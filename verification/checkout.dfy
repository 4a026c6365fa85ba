/** The checkout page from `checkout.js`: field validation, the submit guard, and the
    order built from the form and the cart. */
module Checkout {

  import opened Base
  import opened Text
  import opened Pricing
  import opened Orders
  import ShoppingCart

  /** A required input of the checkout form: its `name` attribute and raw value. */
  datatype Field = Field(name: string, value: string)

  /** The messages `validateField` can show under an input. */
  datatype FieldError = Required | BadEmail | BadPhone | BadPostcode | NameTooShort {
    function Message(): string {
      match this
      case Required => "This field is required"
      case BadEmail => "Please enter a valid email address"
      case BadPhone => "Please enter a valid Malaysian phone number"
      case BadPostcode => "Postcode must be 5 digits"
      case NameTooShort => "Name must be at least 2 characters"
    }
  }

  predicate IsCheckedName(name: string) {
    name == "email" || name == "phone" || name == "postcode" || name == "customerName"
  }

  /** `validateField`: the trimmed value must be non-empty, and four named inputs have a
      rule of their own. `isEmail` and `isPhone` stand for the shared `isValidEmail`
      and `isValidPhone` helpers, which are outside this model. */
  function ValidateField(f: Field, isEmail: string -> bool, isPhone: string -> bool): Option<FieldError>
  {
    var value := Trim(f.value);
    if value == "" then Some(Required)
    else if f.name == "email" then (if isEmail(value) then None else Some(BadEmail))
    else if f.name == "phone" then (if isPhone(value) then None else Some(BadPhone))
    else if f.name == "postcode" then (if IsFiveDigits(value) then None else Some(BadPostcode))
    else if f.name == "customerName" then (if |value| < 2 then Some(NameTooShort) else None)
    else None
  }

  /** A blank value is "required" and nothing else is; a non-blank value passes or fails
      by its input's own rule, and a failure shows that rule's message. */
  lemma ValidateFieldSpec(f: Field, isEmail: string -> bool, isPhone: string -> bool)
    ensures var r, v := ValidateField(f, isEmail, isPhone), Trim(f.value);
      (r == Some(Required) <==> v == "")
      && (f.name == "email" ==> (r.None? <==> v != "" && isEmail(v)))
      && (f.name == "phone" ==> (r.None? <==> v != "" && isPhone(v)))
      && (f.name == "postcode" ==> (r.None? <==> IsFiveDigits(v)))
      && (f.name == "customerName" ==> (r.None? <==> |v| >= 2))
      && (!IsCheckedName(f.name) ==> (r.None? <==> v != ""))
    ensures var r, v := ValidateField(f, isEmail, isPhone), Trim(f.value);
      v != "" ==>
        (f.name == "email" && !isEmail(v) ==> r == Some(BadEmail))
        && (f.name == "phone" && !isPhone(v) ==> r == Some(BadPhone))
        && (f.name == "postcode" && !IsFiveDigits(v) ==> r == Some(BadPostcode))
        && (f.name == "customerName" && |v| < 2 ==> r == Some(NameTooShort))
  {
  }

  /** Whitespace around a value never decides validity: the rules only see the trimmed
      value. */
  lemma ValidateFieldIgnoresPadding(f: Field, pad: string, isEmail: string -> bool, isPhone: string -> bool)
    requires forall i :: 0 <= i < |pad| ==> IsWhitespace(pad[i])
    ensures ValidateField(Field(f.name, pad + f.value + pad), isEmail, isPhone)
         == ValidateField(f, isEmail, isPhone)
  {
    TrimPadded(f.value, pad);
    SameTrimSameVerdict(Field(f.name, pad + f.value + pad), f, isEmail, isPhone);
  }

  /** Two inputs of the same name whose values trim alike get the same verdict. */
  lemma SameTrimSameVerdict(f: Field, g: Field, isEmail: string -> bool, isPhone: string -> bool)
    requires f.name == g.name && Trim(f.value) == Trim(g.value)
    ensures ValidateField(f, isEmail, isPhone) == ValidateField(g, isEmail, isPhone)
  {
  }

  lemma TrimPadded(s: string, pad: string)
    requires forall i :: 0 <= i < |pad| ==> IsWhitespace(pad[i])
    ensures Trim(pad + s + pad) == Trim(s)
  {
    assert pad + s + pad == pad + (s + pad);
    calc {
      Trim(pad + s + pad);
      TrimEnd(TrimStart(pad + (s + pad)));
      { TrimStartPadded(s + pad, pad); }
      TrimEnd(TrimStart(s + pad));
      { TrimStartAppend(s, pad); }
      TrimEnd(TrimStart(s));
    }
  }

  lemma {:induction false} TrimStartPadded(s: string, pad: string)
    requires forall i :: 0 <= i < |pad| ==> IsWhitespace(pad[i])
    ensures TrimStart(pad + s) == TrimStart(s)
  {
    if |pad| > 0 {
      assert (pad + s)[0] == pad[0];
      assert (pad + s)[1..] == pad[1..] + s;
      TrimStartPadded(s, pad[1..]);
    } else {
      assert pad + s == s;
    }
  }

  lemma {:induction false} TrimEndPadded(s: string, pad: string)
    requires forall i :: 0 <= i < |pad| ==> IsWhitespace(pad[i])
    ensures TrimEnd(s + pad) == TrimEnd(s)
  {
    if |pad| > 0 {
      var n := |pad|;
      assert (s + pad)[|s + pad| - 1] == pad[n - 1];
      assert (s + pad)[..|s + pad| - 1] == s + pad[..n - 1];
      TrimEndPadded(s, pad[..n - 1]);
    } else {
      assert s + pad == s;
    }
  }

  /** Trailing whitespace makes no difference once the start is trimmed and the end is
      trimmed too. */
  lemma TrimStartAppend(s: string, pad: string)
    requires forall i :: 0 <= i < |pad| ==> IsWhitespace(pad[i])
    ensures TrimEnd(TrimStart(s + pad)) == TrimEnd(TrimStart(s))
  {
    if TrimStart(s) == "" {
      TrimStartEmptyIffBlank(s);
      TrimStartEmptyIffBlank(s + pad);
      assert forall i :: 0 <= i < |s + pad| ==> IsWhitespace((s + pad)[i]);
    } else {
      TrimStartKeepsTail(s, pad);
      TrimEndPadded(TrimStart(s), pad);
    }
  }

  /** Once a non-whitespace character is found, what follows is kept as it is. */
  lemma {:induction false} TrimStartKeepsTail(s: string, pad: string)
    requires TrimStart(s) != ""
    ensures TrimStart(s + pad) == TrimStart(s) + pad
  {
    assert |s| > 0;
    assert (s + pad)[0] == s[0];
    if IsWhitespace(s[0]) {
      assert (s + pad)[1..] == s[1..] + pad;
      TrimStartKeepsTail(s[1..], pad);
    }
  }

  /** No input shows an error. */
  predicate NoErrors(errors: seq<Option<FieldError>>) {
    forall i :: 0 <= i < |errors| ==> errors[i].None?
  }

  /** The `forEach` of `validateForm`: every required input is validated, in order,
      with no early exit. */
  method ValidateEach(inputs: seq<Field>, isEmail: string -> bool, isPhone: string -> bool)
    returns (errors: seq<Option<FieldError>>)
    ensures |errors| == |inputs|
    ensures forall i :: 0 <= i < |inputs| ==> errors[i] == ValidateField(inputs[i], isEmail, isPhone)
  {
    errors := [];
    var k := 0;
    while k < |inputs|
      invariant 0 <= k <= |inputs|
      invariant |errors| == k
      invariant forall i :: 0 <= i < k ==> errors[i] == ValidateField(inputs[i], isEmail, isPhone)
    {
      errors := errors + [ValidateField(inputs[k], isEmail, isPhone)];
      k := k + 1;
    }
  }

  /** The `isValid` flag: it starts true and any error clears it for good. */
  method AllValid(errors: seq<Option<FieldError>>) returns (valid: bool)
    ensures valid <==> NoErrors(errors)
  {
    valid := true;
    var k := 0;
    while k < |errors|
      invariant 0 <= k <= |errors|
      invariant valid <==> NoErrors(errors[..k])
    {
      assert errors[..k + 1] == errors[..k] + [errors[k]];
      if errors[k].Some? {
        valid := false;
      }
      k := k + 1;
    }
    assert errors[..k] == errors;
  }

  /** `validateForm`: the form is valid exactly when no required input shows an error,
      and every input has been validated (and its message shown) either way. */
  method ValidateForm(inputs: seq<Field>, isEmail: string -> bool, isPhone: string -> bool)
    returns (valid: bool, errors: seq<Option<FieldError>>)
    ensures |errors| == |inputs|
    ensures forall i :: 0 <= i < |inputs| ==> errors[i] == ValidateField(inputs[i], isEmail, isPhone)
    ensures valid <==> forall i :: 0 <= i < |inputs| ==> ValidateField(inputs[i], isEmail, isPhone).None?
  {
    errors := ValidateEach(inputs, isEmail, isPhone);
    valid := AllValid(errors);
  }

  /** The values `FormData` yields for the checkout form. `paymentMethod` and `notes` may
      be absent; the address parts are required inputs and always present. */
  datatype CheckoutForm = CheckoutForm(
    customerName: string,
    phone: string,
    email: string,
    address: string,
    city: string,
    postcode: string,
    state: string,
    paymentMethod: Option<string>,
    notes: Option<string>)

  /** The shipping address line: "address, city, postcode state". */
  function ShippingAddress(form: CheckoutForm): (r: string)
    ensures |r| == |form.address| + |form.city| + |form.postcode| + |form.state| + 5
    ensures form.address <= r && r[|r| - |form.state|..] == form.state
  {
    form.address + ", " + form.city + ", " + form.postcode + " " + form.state
  }

  /** The order copy of a cart line keeps the id, title, quantity and unit price only. */
  function OrderLineOf(l: ShoppingCart.CartLine): OrderLine {
    OrderLine(l.bookId, l.title, l.quantity, l.price)
  }

  /** `cart.map(...)` in `createOrder`. */
  function Snapshot(cart: ShoppingCart.Cart): (r: seq<OrderLine>)
    ensures |r| == |cart|
    ensures forall i :: 0 <= i < |cart| ==>
      r[i].bookId == cart[i].bookId && r[i].title == cart[i].title
      && r[i].quantity == cart[i].quantity && r[i].price == cart[i].price
  {
    if |cart| == 0 then [] else [OrderLineOf(cart[0])] + Snapshot(cart[1..])
  }

  /** The order lines add up to the cart's total and hold as many copies as the cart. */
  lemma {:induction false} SnapshotSums(cart: ShoppingCart.Cart)
    ensures LinesTotal(Snapshot(cart)) == ShoppingCart.Total(cart)
    ensures ItemCount(Snapshot(cart)) == ShoppingCart.ItemCount(cart)
  {
    if |cart| > 0 {
      SnapshotSums(cart[1..]);
      var r := Snapshot(cart);
      assert r[0] == OrderLineOf(cart[0]);
      assert r[1..] == Snapshot(cart[1..]);
    }
  }

  /** What placing an order leaves behind: the saved order and the cart afterwards. */
  datatype Placement = Placement(order: Order, cart: ShoppingCart.Cart)

  /** `createOrder`: an order in status pending built from the raw form values and a copy
      of the cart, priced by the shipping rule; the cart is then emptied. The id and the
      two timestamps come from `generateOrderId` and the clock, outside this model. */
  function CreateOrder(form: CheckoutForm, cart: ShoppingCart.Cart, orderId: string, createdAt: string, updatedAt: string): (r: Placement)
    ensures r.cart == []
    ensures r.order.id == orderId && r.order.status == Pending
    ensures r.order.customerName == form.customerName && r.order.phone == form.phone && r.order.email == form.email
    ensures r.order.address == ShippingAddress(form)
    ensures r.order.items == Snapshot(cart)
    ensures r.order.subtotal == ShoppingCart.Total(cart)
    ensures r.order.shipping == 0 <==> ShoppingCart.Total(cart) >= FreeShippingThreshold
    ensures ShoppingCart.Total(cart) < FreeShippingThreshold ==> r.order.shipping == FlatShipping
    ensures r.order.total == r.order.subtotal + r.order.shipping
    ensures r.order.paymentMethod == form.paymentMethod
    ensures form.notes.Some? ==> r.order.notes == form.notes.value
    ensures form.notes.None? ==> r.order.notes == ""
    ensures r.order.createdAt == createdAt && r.order.updatedAt == updatedAt
  {
    var quote := PriceQuote(ShoppingCart.Total(cart));
    var order := Order(
      orderId, form.customerName, form.phone, form.email, ShippingAddress(form),
      Snapshot(cart), quote.subtotal, quote.shipping, quote.total, Pending,
      form.paymentMethod, form.notes.GetOr(""), createdAt, updatedAt);
    Placement(order, ShoppingCart.ClearCart())
  }

  /** The saved order is internally consistent: its lines add up to its subtotal and its
      item count is the cart's. */
  lemma CreateOrderConsistent(form: CheckoutForm, cart: ShoppingCart.Cart, orderId: string, createdAt: string, updatedAt: string)
    ensures var o := CreateOrder(form, cart, orderId, createdAt, updatedAt).order;
      LinesTotal(o.items) == o.subtotal && ItemCount(o.items) == ShoppingCart.ItemCount(cart)
      && |o.items| == |cart|
  {
    SnapshotSums(cart);
  }

  /** Nothing in `createOrder` rejects an empty cart: it saves an order with no lines
      that charges the flat shipping fee. The empty-cart checks act only when the shopper
      navigates to the checkout page. */
  lemma CreateOrderEmptyCart(form: CheckoutForm, orderId: string, createdAt: string, updatedAt: string)
    ensures var o := CreateOrder(form, [], orderId, createdAt, updatedAt).order;
      o.items == [] && o.subtotal == 0 && o.shipping == FlatShipping && o.total == FlatShipping
  {
  }

  /** Where `initCheckoutPage` sends the shopper. */
  datatype Entry = RedirectToCart | ShowCheckout

  function CheckoutEntry(cart: ShoppingCart.Cart): (r: Entry)
    ensures r == RedirectToCart <==> |cart| == 0
  {
    if |cart| == 0 then RedirectToCart else ShowCheckout
  }

  /** The cart modal's button and the checkout page's redirect test the same thing: both
      let the shopper through exactly when the cart is non-empty. */
  lemma NavigationGuardsAgree(cart: ShoppingCart.Cart)
    ensures ShoppingCart.CheckoutButton(cart) == ShoppingCart.GoToCheckout <==> CheckoutEntry(cart) == ShowCheckout
    ensures CheckoutEntry(cart) == ShowCheckout <==> |cart| > 0
  {
  }

  /** The page checks the cart it reads on load (`entryCart`); `createOrder` reads the
      cart again on submit (`submitCart`). When the two agree, a shopper who reaches the
      form places an order with at least one line and at least one copy per line. An
      empty cart at submit still yields an order with no lines that pays the flat fee,
      whatever the cart held when the page opened. */
  lemma EntryGuardsEmptyOrder(
    form: CheckoutForm, entryCart: ShoppingCart.Cart, submitCart: ShoppingCart.Cart,
    orderId: string, createdAt: string, updatedAt: string)
    requires ShoppingCart.Valid(submitCart)
    ensures var o := CreateOrder(form, submitCart, orderId, createdAt, updatedAt).order;
      submitCart == entryCart ==> (CheckoutEntry(entryCart) == ShowCheckout <==> |o.items| > 0)
    ensures var o := CreateOrder(form, submitCart, orderId, createdAt, updatedAt).order;
      CheckoutEntry(entryCart) == ShowCheckout && submitCart == entryCart ==> ItemCount(o.items) >= |o.items| > 0
    ensures var o := CreateOrder(form, submitCart, orderId, createdAt, updatedAt).order;
      |submitCart| == 0 ==> o.items == [] && o.total == FlatShipping
  {
    CreateOrderConsistent(form, submitCart, orderId, createdAt, updatedAt);
    ShoppingCart.ItemCountBounds(submitCart);
    if |submitCart| == 0 {
      CreateOrderEmptyCart(form, orderId, createdAt, updatedAt);
    }
  }

  /** A cart emptied after the page opened (another tab placed its order or cleared the
      cart) passes the entry check and still places an order with no lines. */
  lemma StaleEntryPlacesEmptyOrder(form: CheckoutForm, line: ShoppingCart.CartLine, orderId: string, createdAt: string, updatedAt: string)
    ensures CheckoutEntry([line]) == ShowCheckout
    ensures var o := CreateOrder(form, [], orderId, createdAt, updatedAt).order;
      o.items == [] && o.shipping == FlatShipping
  {
    CreateOrderEmptyCart(form, orderId, createdAt, updatedAt);
  }

  /** The checkout page's order summary. */
  function CheckoutSummary(cart: ShoppingCart.Cart): (q: Quote)
    ensures q.subtotal == ShoppingCart.Total(cart)
    ensures q.shipping == 0 <==> ShoppingCart.Total(cart) >= FreeShippingThreshold
    ensures ShoppingCart.Total(cart) < FreeShippingThreshold ==> q.shipping == FlatShipping
    ensures q.total == q.subtotal + q.shipping
  {
    PriceQuote(ShoppingCart.Total(cart))
  }

  /** The three places that price a cart agree: the cart modal, the checkout summary and
      the order that is saved all show the same subtotal, shipping and total, namely the
      shipping rule applied to the cart total. */
  lemma ShippingRuleAgrees(form: CheckoutForm, cart: ShoppingCart.Cart, orderId: string, createdAt: string, updatedAt: string)
    ensures CheckoutSummary(cart) == ShoppingCart.CartSummary(cart) == PriceQuote(ShoppingCart.Total(cart))
    ensures var o := CreateOrder(form, cart, orderId, createdAt, updatedAt).order;
      Quote(o.subtotal, o.shipping, o.total) == CheckoutSummary(cart)
  {
  }

  /** The required text inputs of the checkout form, read from the same form that
      `createOrder` reads: name, phone, email and the four address parts. */
  function FormInputs(form: CheckoutForm): (r: seq<Field>)
    ensures |r| == 7
    ensures forall i :: 0 <= i < |r| ==> IsCheckedName(r[i].name) || r[i].name in ["address", "city", "state"]
  {
    [Field("customerName", form.customerName), Field("phone", form.phone), Field("email", form.email),
     Field("address", form.address), Field("city", form.city), Field("postcode", form.postcode),
     Field("state", form.state)]
  }

  /** `handleFormSubmit`: validate the required inputs of the submitted form, its seven
      text inputs followed by any other required input `extra`; only a valid form
      creates an order, and only then is the cart emptied. A placed order therefore
      carries a name of at least two characters, an accepted phone and email, a
      non-blank address, and a five-digit postcode. */
  method SubmitCheckout(
    form: CheckoutForm, extra: seq<Field>, cart: ShoppingCart.Cart,
    orderId: string, createdAt: string, updatedAt: string,
    isEmail: string -> bool, isPhone: string -> bool)
    returns (order: Option<Order>, cartAfter: ShoppingCart.Cart)
    ensures order.None? <==>
      exists i :: 0 <= i < |FormInputs(form) + extra| && ValidateField((FormInputs(form) + extra)[i], isEmail, isPhone).Some?
    ensures order.None? ==> cartAfter == cart
    ensures order.Some? ==>
      order.value == CreateOrder(form, cart, orderId, createdAt, updatedAt).order && cartAfter == []
    ensures order.Some? ==> |Trim(order.value.customerName)| >= 2
    ensures order.Some? ==> isPhone(Trim(order.value.phone)) && isEmail(Trim(order.value.email))
    ensures order.Some? ==> Trim(form.address) != "" && Trim(form.city) != "" && Trim(form.state) != ""
    ensures order.Some? ==> IsFiveDigits(Trim(form.postcode))
  {
    var inputs := FormInputs(form) + extra;
    var valid, errors := ValidateForm(inputs, isEmail, isPhone);
    if !valid {
      assert exists i :: 0 <= i < |inputs| && errors[i].Some?;
      return None, cart;
    }
    AcceptedForm(form, extra, isEmail, isPhone);
    var placed := CreateOrder(form, cart, orderId, createdAt, updatedAt);
    return Some(placed.order), placed.cart;
  }

  /** When every input of the submitted form passes, its values meet each input's rule. */
  lemma AcceptedForm(form: CheckoutForm, extra: seq<Field>, isEmail: string -> bool, isPhone: string -> bool)
    requires var inputs := FormInputs(form) + extra;
      forall i :: 0 <= i < |inputs| ==> ValidateField(inputs[i], isEmail, isPhone).None?
    ensures |Trim(form.customerName)| >= 2 && isPhone(Trim(form.phone)) && isEmail(Trim(form.email))
    ensures Trim(form.address) != "" && Trim(form.city) != "" && Trim(form.state) != ""
    ensures IsFiveDigits(Trim(form.postcode))
  {
    var inputs := FormInputs(form) + extra;
    forall k | 0 <= k < 7
      ensures ValidateField(inputs[k], isEmail, isPhone).None?
    {
    }
    ValidateFieldSpec(inputs[0], isEmail, isPhone);
    ValidateFieldSpec(inputs[1], isEmail, isPhone);
    ValidateFieldSpec(inputs[2], isEmail, isPhone);
    ValidateFieldSpec(inputs[3], isEmail, isPhone);
    ValidateFieldSpec(inputs[4], isEmail, isPhone);
    ValidateFieldSpec(inputs[5], isEmail, isPhone);
    ValidateFieldSpec(inputs[6], isEmail, isPhone);
  }
}
