/** The shipping rule shared by the cart modal, the checkout summary and order creation:
    free shipping from RM100.00, otherwise a flat RM5.00. Amounts are integer sen
    (hundredths of a ringgit). */
module Pricing {

  const FreeShippingThreshold: int := 10000
  const FlatShipping: int := 500

  datatype Quote = Quote(subtotal: int, shipping: int, total: int)

  /** The subtotal, the shipping charged on it, and what the shopper pays. */
  function PriceQuote(subtotal: int): (q: Quote)
    ensures q.subtotal == subtotal
    ensures q.shipping == 0 <==> subtotal >= FreeShippingThreshold
    ensures q.shipping == 0 || q.shipping == FlatShipping
    ensures q.total == q.subtotal + q.shipping
  {
    var shipping := if subtotal >= FreeShippingThreshold then 0 else FlatShipping;
    Quote(subtotal, shipping, subtotal + shipping)
  }

  /** The rule is not monotone: just below the threshold the shopper pays more than a
      cart whose subtotal reaches it exactly. */
  lemma TotalDropsAtThreshold(subtotal: int)
    requires FreeShippingThreshold - FlatShipping < subtotal < FreeShippingThreshold
    ensures PriceQuote(subtotal).total > PriceQuote(FreeShippingThreshold).total
    ensures PriceQuote(subtotal).subtotal < PriceQuote(FreeShippingThreshold).subtotal
  {
  }
}
